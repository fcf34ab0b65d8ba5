/** What the conversation promises: each step either validates its input and advances, or
    leaves the states and forms as they were; the tables stay consistent; the sweep forgets
    exactly the users who have been idle for more than thirty minutes. */
module ConversationProps {
  import opened Common
  import opened JsStrings
  import opened Seqs
  import opened Geo
  import opened Ranking
  import opened SheetRows
  import opened Geocoding
  import opened Conversation

  /** Neither a state nor a form changed, and nothing was sent. */
  predicate Untouched(r: Sessions, s: Sessions) {
    r.userStates == s.userStates && r.userData == s.userData && r.outbox == s.outbox
  }

  /** The user moved to `state` with the form `form`; everyone else is as they were. */
  predicate Moved(r: Sessions, s: Sessions, u: UserId, state: State, form: Form) {
    r.userStates == s.userStates[u := state] && r.userData == s.userData[u := form] && r.outbox == s.outbox
  }

  /** A plain text from a user in the given state. */
  predicate TextInState(s: Sessions, msg: Message, state: State) {
    Consistent(s) && IsPlainText(msg) && msg.from in s.userStates && s.userStates[msg.from] == state
  }

  // ---------------------------------------------------------------- activity and consistency

  /** The activity records are as in `t` and the tables are consistent. */
  predicate KeptFrom(r: Sessions, t: Sessions) {
    r.lastActivity == t.lastActivity && Consistent(r)
  }

  lemma AdvanceKeeps(t: Sessions, u: UserId, state: State, form: Form)
    requires Consistent(t) && u in t.lastActivity
    ensures KeptFrom(Advance(t, u, state, form), t)
  {
  }

  lemma SetStateKeeps(t: Sessions, u: UserId, state: State)
    requires Consistent(t) && u in t.userData && u in t.lastActivity
    ensures KeptFrom(SetState(t, u, state), t)
  {
  }

  lemma FioInputKeeps(t: Sessions, u: UserId, text: string)
    requires Consistent(t) && u in t.lastActivity
    ensures KeptFrom(FioInput(t, u, text), t)
  {
    if FioAccepted(text) {
      AdvanceKeeps(t, u, RequestingPhone, DataOf(t, u).(fio := Some(Trim(text))));
    }
  }

  lemma ShopSelectionKeeps(t: Sessions, u: UserId, text: string)
    requires Consistent(t) && u in t.userData && u in t.lastActivity
    ensures KeptFrom(ShopSelection(t, u, text), t)
  {
    var data := DataOf(t, u);
    var shops := if data.availableShops.Some? then data.availableShops.value else [];
    var choice := NumberedChoice(text);
    if text == BackToLocation {
      SetStateKeeps(t, u, RequestingLocation);
    } else if choice.Some? && 1 <= choice.value <= |shops| {
      AdvanceKeeps(t, u, ShowingVacancyDetails, data.(selectedShop := Some(shops[choice.value - 1])));
    }
  }

  lemma VacancyDetailsKeeps(t: Sessions, u: UserId, text: string)
    requires Consistent(t) && u in t.userData && u in t.lastActivity
    ensures KeptFrom(VacancyDetails(t, u, text), t)
  {
    SetStateKeeps(t, u, ShowingShops);
    SetStateKeeps(t, u, RequestingFio);
  }

  lemma ConfirmationKeeps(t: Sessions, u: UserId, text: string, managerChat: string)
    requires Consistent(t) && u in t.userData && u in t.lastActivity
    ensures KeptFrom(ConfirmationStep(t, u, text, managerChat), t)
  {
    SetStateKeeps(t, u, Start);
  }

  lemma ShowVacanciesKeeps(t: Sessions, u: UserId, svc: Services)
    requires Consistent(t) && u in t.userData && u in t.lastActivity
    ensures KeptFrom(ShowVacancies(t, u, svc), t)
  {
    AdvanceKeeps(t, u, ChoosingVacancy, t.userData[u].(availableVacancies := Some(OfferedVacancies(svc.vacancyRows))));
  }

  /** The `message` handler records the sender's activity (only the sweep ever removes it)
      and keeps every user with a state supplied with a form and an activity record. */
  lemma LocationTextKeeps(t: Sessions, u: UserId, text: string, svc: Services)
    requires Consistent(t) && u in t.userData && u in t.lastActivity
    ensures var data := DataOf(t, u);
            var r := if text == BackToVacancies then ShowVacancies(t, u, svc)
                     else
                       var coordinates := Geocoded(text, svc.lower, svc.primary, svc.secondary);
                       if coordinates.None? then t
                       else ShowShops(Advance(t, u, ShowingShops, data.(userAddress := Some(text), userLocation := coordinates, locationType := Some("address"))), u, svc);
            KeptFrom(r, t)
  {
    var data := DataOf(t, u);
    var coordinates := Geocoded(text, svc.lower, svc.primary, svc.secondary);
    var located := data.(userAddress := Some(text), userLocation := coordinates, locationType := Some("address"));
    ShowVacanciesKeeps(t, u, svc);
    AdvanceKeeps(t, u, ShowingShops, located);
    ShowShopsConsistent(Advance(t, u, ShowingShops, located), u, svc);
  }

  lemma MessageKeepsConsistent(s: Sessions, msg: Message, now: int, svc: Services, managerChat: string)
    requires Consistent(s)
    ensures MessageStep(s, msg, now, svc, managerChat).lastActivity == s.lastActivity[msg.from := Activity(now, msg.chat)]
    ensures Consistent(MessageStep(s, msg, now, svc, managerChat))
  {
    var u := msg.from;
    var t := Touch(s, u, msg.chat, now);
    var r := MessageStep(s, msg, now, svc, managerChat);
    if IsPlainText(msg) && u in t.userStates {
      var text := msg.text.value;
      var data := DataOf(t, u);
      match t.userStates[u]
      case RequestingFio =>
        FioInputKeeps(t, u, text);
        assert r == FioInput(t, u, text);
      case RequestingPhone =>
        AdvanceKeeps(t, u, RequestingAge, data.(phone := Some(DigitsOnly(text))));
        assert KeptFrom(r, t);
      case RequestingAge =>
        AdvanceKeeps(t, u, Confirmation, data.(age := AcceptedAge(text)));
        assert KeptFrom(r, t);
      case ChoosingVacancy =>
        AdvanceKeeps(t, u, RequestingLocation, data.(selectedVacancy := Some(text)));
        assert KeptFrom(r, t);
      case RequestingLocation =>
        LocationTextKeeps(t, u, text, svc);
        assert KeptFrom(r, t);
      case ShowingShops =>
        ShopSelectionKeeps(t, u, text);
        assert r == ShopSelection(t, u, text);
      case ShowingVacancyDetails =>
        VacancyDetailsKeeps(t, u, text);
        assert r == VacancyDetails(t, u, text);
      case Confirmation =>
        ConfirmationKeeps(t, u, text, managerChat);
        assert r == ConfirmationStep(t, u, text, managerChat);
      case Start =>
        assert r == t;
    } else {
      assert r == t;
    }
  }

  /** A message that is not a plain text, or comes from a user with no state, changes
      nothing but the activity record. */
  lemma IgnoredMessage(s: Sessions, msg: Message, now: int, svc: Services, managerChat: string)
    requires Consistent(s)
    requires !IsPlainText(msg) || msg.from !in s.userStates || s.userStates[msg.from] == Start
    ensures Untouched(MessageStep(s, msg, now, svc, managerChat), s)
  {
  }

  lemma ShowShopsConsistent(s: Sessions, u: UserId, svc: Services)
    requires Consistent(s)
    ensures Consistent(ShowShops(s, u, svc))
    ensures ShowShops(s, u, svc).userStates == s.userStates
    ensures ShowShops(s, u, svc).lastActivity == s.lastActivity
  {
  }

  /** The other events keep the tables consistent too. */
  lemma EventsKeepConsistent(s: Sessions, chat: ChatId, u: UserId, contactUser: Option<UserId>, phone: string,
                             location: Coord, now: int, svc: Services)
    requires Consistent(s)
    ensures Consistent(StartStep(s, chat, u, now, svc))
    ensures Consistent(CancelStep(s, u))
    ensures Consistent(ContactStep(s, chat, u, contactUser, phone, now))
    ensures Consistent(LocationStep(s, chat, u, location, now, svc))
  {
    var t := Touch(s, u, chat, now);
    if u in t.userStates && t.userStates[u] == RequestingLocation {
      var located := DataOf(t, u).(userLocation := Some(location), locationType := Some("coordinates"));
      ShowShopsConsistent(Advance(t, u, ShowingShops, located), u, svc);
    }
  }

  // ---------------------------------------------------------------- the input rules

  /** A manual phone is accepted exactly when its digits are eleven and start with 7; the
      regular expression adds nothing, the digits-only text being all digits. */
  lemma PhoneRule(clean: string)
    requires AllDigits(clean)
    ensures PhoneAccepted(clean) <==> |clean| == 11 && clean[0] == '7'
    ensures PhonePattern(clean) <==> |clean| == 11 && clean[0] == '7'
  {
  }

  /** REQUESTING_PHONE: an accepted number is stored as its digits and the age is asked for;
      any other text changes nothing. */
  lemma PhoneStep(s: Sessions, msg: Message, now: int, svc: Services, managerChat: string)
    requires TextInState(s, msg, RequestingPhone)
    ensures var u := msg.from;
            var clean := DigitsOnly(msg.text.value);
            var r := MessageStep(s, msg, now, svc, managerChat);
            if |clean| == 11 && clean[0] == '7'
            then Moved(r, s, u, RequestingAge, s.userData[u].(phone := Some(clean)))
            else Untouched(r, s)
  {
    PhoneRule(DigitsOnly(msg.text.value));
  }

  // The digits of `+7 (900) 123-45-67`, a piece at a time.

  lemma CountryCodeDigits()
    ensures DigitsOnly("+7 (") == "7"
  {
    assert DigitsOnly(" (") == "";
  }

  lemma AreaCodeDigits()
    ensures DigitsOnly("900)") == "900"
  {
    assert DigitsOnly("0)") == "0";
    assert DigitsOnly("00)") == "00";
  }

  lemma ExchangeDigits()
    ensures DigitsOnly(" 123-") == "123"
  {
    assert DigitsOnly("3-") == "3";
    assert DigitsOnly("23-") == "23";
  }

  lemma LineDigits()
    ensures DigitsOnly("45-67") == "4567"
  {
    assert DigitsOnly("67") == "67";
    assert DigitsOnly("-67") == "67";
    assert DigitsOnly("5-67") == "567";
  }

  /** The digits of a formatted number are read through the punctuation, and the result
      is accepted. */
  lemma PhoneAcceptedExample(country: string, area: string, exchange: string, line: string, clean: string)
    requires country == "+7 (" && area == "900)" && exchange == " 123-" && line == "45-67"
    requires clean == "79001234567"
    ensures DigitsOnly(country + area + exchange + line) == clean
    ensures PhoneAccepted(clean)
  {
    DigitsOnlyAppend(country + area + exchange, line);
    DigitsOnlyAppend(country + area, exchange);
    DigitsOnlyAppend(country, area);
    CountryCodeDigits();
    AreaCodeDigits();
    ExchangeDigits();
    LineDigits();
    assert "7" + "900" + "123" + "4567" == clean;
    assert |clean| == 11 && clean[0] == '7';
  }

  /** Ten digits starting with 8 are refused. */
  lemma PhoneRejectedExample()
    ensures !PhoneAccepted(DigitsOnly("8900123456"))
  {
    assert DigitsOnly("8900123456")[0] == '8';
  }

  /** REQUESTING_AGE: the leading integer of the text, when in [14, 100], is stored and the
      confirmation follows; otherwise nothing changes. */
  lemma AgeStep(s: Sessions, msg: Message, now: int, svc: Services, managerChat: string)
    requires TextInState(s, msg, RequestingAge)
    ensures var u := msg.from;
            var age := ParseInt(msg.text.value);
            var r := MessageStep(s, msg, now, svc, managerChat);
            if age.Some? && 14 <= age.value <= 100
            then Moved(r, s, u, Confirmation, s.userData[u].(age := age))
            else Untouched(r, s)
  {
  }

  /** "17" and "17 лет" give the age 17. */
  lemma AgeAcceptedExamples()
    ensures AcceptedAge("17") == Some(17)
    ensures AcceptedAge("17 лет") == Some(17)
  {
    assert DecimalString(17) == "17";
    ParseIntOfDecimal(17, "");
    assert "17" + "" == "17";
    ParseIntOfDecimal(17, " лет");
    assert "17" + " лет" == "17 лет";
  }

  /** parseInt reads a `0x` prefix as hexadecimal, so "0x11" is the age 17. */
  lemma HexAgeExample()
    ensures AcceptedAge("0x11") == Some(17)
  {
    var t := "0x11";
    assert LeadingSpaces(t) == 0;
    assert TrimStart(t) == t;
    var h := t[2..];
    assert h == "11";
    assert HexRun(h) == 2;
    assert h[..2] == h;
    assert ValueIn(16, h) == 17 by {
      assert h[..1] == "1";
      assert ValueIn(16, h[..1]) == 1;
    }
  }

  lemma TooYoungExample()
    ensures AcceptedAge("13") == None
  {
    assert DecimalString(13) == "13";
    ParseIntOfDecimal(13, "");
    assert "13" + "" == "13";
  }

  lemma TooOldExample()
    ensures AcceptedAge("101") == None
  {
    assert DecimalString(101) == "101";
    ParseIntOfDecimal(101, "");
    assert "101" + "" == "101";
  }

  lemma NotANumberExample()
    ensures AcceptedAge("abc") == None
  {
    assert DigitRun("abc") == 0;
  }

  /** "13" and "101" are out of range and "abc" is not a number. */
  lemma AgeRejectedExamples()
    ensures AcceptedAge("13") == None
    ensures AcceptedAge("101") == None
    ensures AcceptedAge("abc") == None
  {
    TooYoungExample();
    TooOldExample();
    NotANumberExample();
  }

  /** CHOOSING_VACANCY: only a text that is exactly one of the offered vacancies is taken,
      and then the location is asked for. */
  lemma VacancyStep(s: Sessions, msg: Message, now: int, svc: Services, managerChat: string)
    requires TextInState(s, msg, ChoosingVacancy)
    ensures var u := msg.from;
            var text := msg.text.value;
            var offered := s.userData[u].availableVacancies;
            var r := MessageStep(s, msg, now, svc, managerChat);
            if offered.Some? && text in offered.value
            then Moved(r, s, u, RequestingLocation, s.userData[u].(selectedVacancy := Some(text)))
            else Untouched(r, s)
  {
  }

  /** A full name is a trimmed text with a space inside. */
  lemma FioRule(text: string)
    ensures FioAccepted(text) <==> ' ' in Trim(text)
  {
    SplitInTwoIff(Trim(text), ' ');
  }

  /** REQUESTING_FIO: a full name is stored trimmed and the phone is asked for. */
  lemma FioStep(s: Sessions, msg: Message, now: int, svc: Services, managerChat: string)
    requires TextInState(s, msg, RequestingFio)
    ensures var u := msg.from;
            var text := msg.text.value;
            var r := MessageStep(s, msg, now, svc, managerChat);
            if ' ' in Trim(text)
            then Moved(r, s, u, RequestingPhone, s.userData[u].(fio := Some(Trim(text))))
            else Untouched(r, s)
  {
    FioRule(msg.text.value);
  }

  /** SHOWING_SHOPS: the back button returns to the location prompt; "n. …" with n among
      the listed shops selects shop n; anything else changes nothing. */
  lemma ShopStep(s: Sessions, msg: Message, now: int, svc: Services, managerChat: string)
    requires TextInState(s, msg, ShowingShops)
    ensures var u := msg.from;
            var text := msg.text.value;
            var listed := s.userData[u].availableShops;
            var shops := if listed.Some? then listed.value else [];
            var n := NumberedChoice(text);
            var r := MessageStep(s, msg, now, svc, managerChat);
            if text == BackToLocation then Moved(r, s, u, RequestingLocation, s.userData[u])
            else if n.Some? && 1 <= n.value <= |shops|
            then Moved(r, s, u, ShowingVacancyDetails, s.userData[u].(selectedShop := Some(shops[n.value - 1])))
            else Untouched(r, s)
  {
  }

  /** The number on a shop button reads back: the button of the shop at index i selects it. */
  lemma ShopButtonRoundTrip(i: nat, caption: string)
    ensures NumberedChoice(DecimalString(i + 1) + ". " + caption) == Some(i + 1)
  {
    var d := DecimalString(i + 1);
    var text := d + ". " + caption;
    assert text == d + ("." + " " + caption);
    DigitRunOfDigitsThen(d, "." + " " + caption);
    assert text[..|d|] == d;
    assert text[|d|] == '.';
    ParseIntOfDecimal(i + 1, "");
    assert d + "" == d;
  }

  /** A text with no leading `n.` selects nothing. */
  lemma ShopButtonNeedsNumber(text: string)
    requires text == "" || !IsDigit(text[0])
    ensures NumberedChoice(text) == None
  {
  }

  /** SHOWING_VACANCY_DETAILS: back to the shop list, or on to the name; nothing else. */
  lemma DetailsStep(s: Sessions, msg: Message, now: int, svc: Services, managerChat: string)
    requires TextInState(s, msg, ShowingVacancyDetails)
    ensures var u := msg.from;
            var text := msg.text.value;
            var r := MessageStep(s, msg, now, svc, managerChat);
            if text == BackToShops then Moved(r, s, u, ShowingShops, s.userData[u])
            else if text == Apply then Moved(r, s, u, RequestingFio, s.userData[u])
            else Untouched(r, s)
  {
  }

  /** CONFIRMATION: sending notifies the managers exactly once when their chat is set, and
      forgets the state and the form but not the activity record; revising returns to
      START keeping the form. */
  lemma ConfirmationRule(s: Sessions, msg: Message, now: int, svc: Services, managerChat: string)
    requires TextInState(s, msg, Confirmation)
    ensures var u := msg.from;
            var text := msg.text.value;
            var r := MessageStep(s, msg, now, svc, managerChat);
            (text == ConfirmSend ==>
               r.userStates == s.userStates - {u} && r.userData == s.userData - {u} && u in r.lastActivity
               && r.outbox == s.outbox + (if managerChat != "" then [Application(managerChat, u, s.userData[u])] else []))
            && (text == ConfirmRevise ==> Moved(r, s, u, Start, s.userData[u]))
            && (text != ConfirmSend && text != ConfirmRevise ==> Untouched(r, s))
  {
  }

  /** A shared contact of someone else is refused without touching anything; the sender's
      own contact stores the phone and asks for the age, from whatever state. */
  lemma ContactRule(s: Sessions, chat: ChatId, u: UserId, contactUser: Option<UserId>, phone: string, now: int)
    ensures contactUser != Some(u) ==> ContactStep(s, chat, u, contactUser, phone, now) == s
    ensures contactUser == Some(u) ==>
              var r := ContactStep(s, chat, u, contactUser, phone, now);
              Moved(r, s, u, RequestingAge, DataOf(s, u).(phone := Some(phone)))
              && r.lastActivity == s.lastActivity[u := Activity(now, chat)]
  {
  }

  /** A location outside REQUESTING_LOCATION only records the activity; inside it, the
      location is stored and the user is shown the shops. */
  lemma LocationRule(s: Sessions, chat: ChatId, u: UserId, location: Coord, now: int, svc: Services)
    ensures !(u in s.userStates && s.userStates[u] == RequestingLocation) ==>
              Untouched(LocationStep(s, chat, u, location, now, svc), s)
    ensures u in s.userStates && s.userStates[u] == RequestingLocation ==>
              var r := LocationStep(s, chat, u, location, now, svc);
              r.userStates == s.userStates[u := ShowingShops] && r.outbox == s.outbox
              && u in r.userData && r.userData[u].userLocation == Some(location)
  {
  }

  // ---------------------------------------------------------------- offered lists

  /** The vacancy keyboard is never empty and lists no vacancy twice. */
  lemma OfferedVacanciesSpec(vacancyRows: Fetch<seq<Row>>)
    ensures |OfferedVacancies(vacancyRows)| >= 1
    ensures Distinct(OfferedVacancies(vacancyRows))
  {
    var vs := Vacancies(vacancyRows);
    if vacancyRows.Returned? && vacancyRows.result.Some? {
      DedupKeysDistinct(ListedCells(if |vacancyRows.result.value| == 0 then [] else vacancyRows.result.value[1..]), Identity);
    }
  }

  /** With a chosen vacancy and a truthy location, the shops shown are at most five, every
      one of them located, nearest first; when the sheet has none for the vacancy, the one
      test shop. */
  lemma ShownShops(s: Sessions, u: UserId, svc: Services)
    requires DataOf(s, u).selectedVacancy.Some? && DataOf(s, u).selectedVacancy.value != ""
    requires DataOf(s, u).userLocation.Some? && IsTruthy(DataOf(s, u).userLocation.value.latitude)
             && IsTruthy(DataOf(s, u).userLocation.value.longitude)
    ensures var data := DataOf(s, u);
            var shown := DataOf(ShowShops(s, u, svc), u).availableShops;
            shown.Some? && |shown.value| <= MaxShown && SortedByDistance(shown.value)
            && (forall x :: x in shown.value ==> HasCoordinates(x.shop))
            && (DataForVacancy(svc.projectRows, data.selectedVacancy.value, svc.lower, svc.parseFloat) == [] ==>
                  shown.value == [RankedShop(PlaceholderShop(data.selectedVacancy.value),
                                             svc.distance(data.userLocation.value, PlaceholderShop(data.selectedVacancy.value).coordinates))])
  {
    var data := DataOf(s, u);
    var shops := ShopsToRank(svc, data.selectedVacancy.value);
    var from := data.userLocation.value;
    RankSize(shops, from, svc.distance);
    RankSorted(shops, from, svc.distance);
    RankOnlyLocated(shops, from, svc.distance);
    if DataForVacancy(svc.projectRows, data.selectedVacancy.value, svc.lower, svc.parseFloat) == [] {
      var p := PlaceholderShop(data.selectedVacancy.value);
      assert HasCoordinates(p);
      assert Filter([p], HasCoordinates) == [p] + Filter([p][1..], HasCoordinates);
      assert [p][1..] == [];
      var c := Candidates(shops, from, svc.distance);
      assert c == [RankedShop(p, svc.distance(from, p.coordinates))];
      assert SortByDistance(c) == InsertByDistance(SortByDistance(c[..0]), c[0]);
      assert c[..0] == [];
    }
  }

  // ---------------------------------------------------------------- the sweep

  lemma SweepUserKeepsConsistent(s: Sessions, now: int, u: UserId)
    requires Consistent(s)
    ensures Consistent(SweepUser(s, now, u))
  {
  }

  lemma {:induction false} SweepKeepsConsistent(s: Sessions, now: int, order: seq<UserId>)
    requires Consistent(s)
    ensures Consistent(SweepSpec(s, now, order))
  {
    if |order| > 0 {
      SweepKeepsConsistent(s, now, order[..|order| - 1]);
      SweepUserKeepsConsistent(SweepSpec(s, now, order[..|order| - 1]), now, order[|order| - 1]);
    }
  }

  lemma MapMinusSnoc<K, V>(m: map<K, V>, e: set<K>, x: K)
    ensures (m - e) - {x} == m - (e + {x})
  {
  }

  /** The sweep in closed form: the users of `order` idle for more than the timeout lose
      their state, form and activity record, and each gets a notice in enumeration order
      when it has a chat id; nobody else is touched. */
  lemma {:induction false} SweepClosedForm(s: Sessions, now: int, order: seq<UserId>)
    requires Distinct(order)
    ensures var r := SweepSpec(s, now, order);
            var gone := ExpiredIn(s, now, order);
            r.userStates == s.userStates - gone && r.userData == s.userData - gone
            && r.lastActivity == s.lastActivity - gone && r.outbox == s.outbox + Notices(s, now, order)
  {
    if |order| == 0 {
      assert ExpiredIn(s, now, order) == {};
      assert s.userStates - {} == s.userStates;
      assert s.userData - {} == s.userData;
      assert s.lastActivity - {} == s.lastActivity;
    } else {
      var init, x := order[..|order| - 1], order[|order| - 1];
      assert Distinct(init);
      SweepClosedForm(s, now, init);
      var r0 := SweepSpec(s, now, init);
      var gone0 := ExpiredIn(s, now, init);
      assert x !in init;
      assert x !in gone0;
      assert Expired(r0, now, x) == Expired(s, now, x);
      assert x in r0.lastActivity ==> r0.lastActivity[x] == s.lastActivity[x];
      if Expired(s, now, x) {
        assert ExpiredIn(s, now, order) == gone0 + {x};
        MapMinusSnoc(s.userStates, gone0, x);
        MapMinusSnoc(s.userData, gone0, x);
        MapMinusSnoc(s.lastActivity, gone0, x);
      } else {
        assert ExpiredIn(s, now, order) == gone0;
      }
    }
  }

  /** When `order` lists exactly the users with a state, once each, the sweep forgets
      exactly the users with a state who have been idle for more than thirty minutes. */
  lemma SweepForgetsExactlyIdleUsers(s: Sessions, now: int, order: seq<UserId>)
    requires Distinct(order)
    requires forall u :: u in order <==> u in s.userStates
    ensures var r := SweepSpec(s, now, order);
            var idle := set u | u in s.userStates && Expired(s, now, u);
            r.userStates == s.userStates - idle && r.userData == s.userData - idle
            && r.lastActivity == s.lastActivity - idle
            && (forall u :: u in s.userStates ==> (u in r.userStates <==> !Expired(s, now, u)))
  {
    SweepClosedForm(s, now, order);
    assert ExpiredIn(s, now, order) == set u | u in s.userStates && Expired(s, now, u);
  }
}
