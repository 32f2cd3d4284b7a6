/** The client's view of an event, as the API delivers it, and the modal
    store (event_frontend/src/store/modalStore.ts) that holds the event
    being shown in the event dialog.

    Times are instants in milliseconds and `endDate` a day number (module
    Calendar); the ISO text the API sends is not modelled. A JavaScript
    `null` or missing member is `None`.
 */
module Modal {
  import opened Wrappers

  /** The `recurrence_rule` member of an event. */
  datatype ClientRule = ClientRule(
    frequency: string,
    interval: nat,
    endDate: Option<int>,
    weekdays: Option<seq<string>>,
    weekday: Option<string>,
    ordinal: Option<int>)

  datatype Event = Event(
    id: nat,
    title: string,
    description: Option<string>,
    location: Option<string>,
    startTime: int,
    endTime: int,
    isRecurring: bool,
    recurrenceRule: Option<ClientRule>)

  /** The store's two state members. */
  datatype ModalState = ModalState(isOpen: bool, selectedEvent: Option<Event>)

  /** The state the store is created with: closed, nothing selected. */
  function InitialModal(): (m: ModalState)
    ensures !m.isOpen && m.selectedEvent.None?
  {
    ModalState(false, None)
  }

  /** `openModal(event)`: open, showing `event` (which may be `null`). */
  function Opened(e: Option<Event>): (m: ModalState)
    ensures m.isOpen && m.selectedEvent == e
  {
    ModalState(true, e)
  }

  class ModalStore {
    var isOpen: bool
    var selectedEvent: Option<Event>

    function State(): ModalState
      reads this
    {
      ModalState(isOpen, selectedEvent)
    }

    constructor()
      ensures State() == InitialModal()
    {
      isOpen := false;
      selectedEvent := None;
    }

    /** Both members are set, so the previous state plays no part. */
    method OpenModal(e: Option<Event>)
      modifies this
      ensures State() == Opened(e)
    {
      isOpen := true;
      selectedEvent := e;
    }

    /** `closeModal()`: back to the state the store is created with, however
      it was opened before, so closing twice is closing once. */
    method CloseModal()
      modifies this
      ensures State() == InitialModal()
    {
      isOpen := false;
      selectedEvent := None;
    }
  }
}
