/** The part of a browser event that the handlers of this model touch. */
module Dom {

  class Event {
    /** Set by preventDefault(): the browser's default action is suppressed. */
    var defaultPrevented: bool

    constructor ()
      ensures !defaultPrevented
    {
      defaultPrevented := false;
    }

    method PreventDefault()
      modifies this
      ensures defaultPrevented
    {
      defaultPrevented := true;
    }
  }
}
