/** The `useModal` hook (client/src/hooks/useModal.ts): whether the dialog is open and the
    data it was opened with. */
module UseModal {
  import opened Js

  class Modal {
    var isOpen: bool
    var data: JsValue

    /** `useModal(initialState)`; the hook's default is closed. */
    constructor (initialState: bool)
      ensures isOpen == initialState && data == Null
    {
      isOpen, data := initialState, Null;
    }

    /** `openModal(d)`: open, holding d, or `null` when d is falsy (or not given). */
    method OpenModal(d: JsValue)
      modifies this
      ensures isOpen
      ensures Truthy(d) ==> data == d
      ensures !Truthy(d) ==> data == Null
    {
      data := if Truthy(d) then d else Null;
      isOpen := true;
    }

    /** `closeModal`: closed and empty, from any state. */
    method CloseModal()
      modifies this
      ensures !isOpen && data == Null
    {
      isOpen, data := false, Null;
    }

    /** `toggleModal`: flips `isOpen`; closing clears the data, opening keeps it. */
    method ToggleModal()
      modifies this
      ensures isOpen == !old(isOpen)
      ensures old(isOpen) ==> data == Null
      ensures !old(isOpen) ==> data == old(data)
    {
      var wasOpen := isOpen;
      isOpen := !isOpen;
      if wasOpen {
        data := Null;
      }
    }
  }

  /** Opening with data and toggling twice leaves the dialog open but empty: the first toggle
      closes it and drops the data. */
  method OpenToggleToggle(d: JsValue) returns (isOpen: bool, data: JsValue)
    ensures isOpen && data == Null
  {
    var m := new Modal(false);
    m.OpenModal(d);
    m.ToggleModal();
    m.ToggleModal();
    isOpen, data := m.isOpen, m.data;
  }

  /** Opening with an empty string stores `null`, since `''` is falsy. */
  method OpenWithEmptyText() returns (isOpen: bool, data: JsValue)
    ensures isOpen && data == Null
  {
    var m := new Modal(false);
    m.OpenModal(Str(""));
    isOpen, data := m.isOpen, m.data;
  }
}
