/** The standalone `contact` handler of handlers/phone.js. It checks that the shared contact
    is the sender's own and that the sender is at START, then stores the phone, moves to
    CHOOSING_VACANCY and offers the vacancies two per row. Its state store and vacancy
    source live in modules that are not part of this model: the store is two maps here,
    and the vacancy source is the outcome of the call. */
module PhoneHandler {
  import opened Common
  import opened Seqs
  import opened Keyboards
  import opened Conversation

  /** `msg.contact`: whose contact it is and its number. */
  datatype Contact = Contact(userId: UserId, phoneNumber: string)

  /** What the handler answers. */
  datatype Reply =
    | NoReply
    | NotOwnContact
    | FinishCurrentFirst
    | VacancyPrompt(phone: string, keyboard: seq<seq<string>>)

  /** The list used when the vacancy source answers nothing or an empty list. */
  const EmptyFallback: seq<string> := ["Кассир", "Уборщик", "Повар"]
  /** The list used when the vacancy source throws. */
  const ErrorFallback: seq<string> := ["Кассир", "Уборщик", "Менеджер", "Повар", "Бариста"]

  /** The vacancies offered after `getVacancies()` came back as `fetched`. */
  function OfferedAfterContact(fetched: Fetch<seq<string>>): (r: seq<string>)
    ensures |r| >= 1
    ensures fetched.Threw? ==> r == ErrorFallback
    ensures fetched.Returned? && (fetched.result.None? || |fetched.result.value| == 0) ==> r == EmptyFallback
    ensures fetched.Returned? && fetched.result.Some? && |fetched.result.value| > 0 ==> r == fetched.result.value
  {
    match fetched
    case Threw => ErrorFallback
    case Returned(None) => EmptyFallback
    case Returned(Some(list)) => if |list| == 0 then EmptyFallback else list
  }

  /** The handler goes through: a contact of the sender's own, who is at START. */
  predicate Admits(states: map<UserId, State>, u: UserId, contact: Option<Contact>) {
    contact.Some? && contact.value.userId == u && u in states && states[u] == Start
  }

  /** The fields of a user in the store, empty when there are none. */
  function FieldsOf(userData: map<UserId, map<string, string>>, u: UserId): map<string, string> {
    if u in userData then userData[u] else map[]
  }

  class ContactStore {
    /** `getState` / `setState`. */
    var states: map<UserId, State>
    /** `setUserData(userId, key, value)`. */
    var userData: map<UserId, map<string, string>>

    constructor ()
      ensures states == map[] && userData == map[]
    {
      states := map[];
      userData := map[];
    }

    /** Offers the vacancies, falling back on a placeholder list, two per row. */
    method VacancyKeyboard(fetched: Fetch<seq<string>>) returns (keyboard: seq<seq<string>>)
      ensures Flatten(keyboard) == OfferedAfterContact(fetched)
      ensures |keyboard| == (|OfferedAfterContact(fetched)| + 1) / 2
      ensures forall k :: 0 <= k < |keyboard| ==> 1 <= |keyboard[k]| <= 2
    {
      keyboard := ChunkPairs(OfferedAfterContact(fetched));
    }

    /** The `contact` handler; `fetched` is what `getVacancies()` does when it is called. */
    method OnContact(u: UserId, contact: Option<Contact>, fetched: Fetch<seq<string>>) returns (reply: Reply)
      modifies this
      ensures contact.None? ==> reply == NoReply
      ensures contact.Some? && contact.value.userId != u ==> reply == NotOwnContact
      ensures contact.Some? && contact.value.userId == u && !Admits(old(states), u, contact) ==> reply == FinishCurrentFirst
      ensures !Admits(old(states), u, contact) ==> states == old(states) && userData == old(userData)
      ensures Admits(old(states), u, contact) ==>
                states == old(states)[u := ChoosingVacancy]
                && userData == old(userData)[u := FieldsOf(old(userData), u)["phone" := contact.value.phoneNumber]]
                && reply.VacancyPrompt? && reply.phone == contact.value.phoneNumber
                && Flatten(reply.keyboard) == OfferedAfterContact(fetched)
                && forall k :: 0 <= k < |reply.keyboard| ==> 1 <= |reply.keyboard[k]| <= 2
    {
      if contact.None? {
        return NoReply;
      }
      if contact.value.userId != u {
        return NotOwnContact;
      }
      if u !in states || states[u] != Start {
        return FinishCurrentFirst;
      }
      var phoneNumber := contact.value.phoneNumber;
      userData := userData[u := FieldsOf(userData, u)["phone" := phoneNumber]];
      states := states[u := ChoosingVacancy];
      var keyboard := VacancyKeyboard(fetched);
      reply := VacancyPrompt(phoneNumber, keyboard);
    }
  }
}
