/** The contact overlay's open/closed flag, shared through a context. A
    provider holds the flag and updates it; the context's default value,
    seen by components outside any provider, is closed and its functions
    do nothing. */
module ContactContext {

  class ContactState {
    /** Whether this is a provider's value rather than the default one. */
    const provided: bool
    var isContactOpen: bool

    /** The default value never opens. */
    ghost predicate Valid()
      reads this
    {
      !provided ==> !isContactOpen
    }

    /** The provider's initial state: closed. */
    constructor Provider()
      ensures Valid() && provided && !isContactOpen
    {
      provided := true;
      isContactOpen := false;
    }

    /** The default context value: closed, with no-op functions. */
    constructor Default()
      ensures Valid() && !provided && !isContactOpen
    {
      provided := false;
      isContactOpen := false;
    }

    /** `toggleContact`: a provider flips the flag; the default does nothing. */
    method ToggleContact()
      requires Valid()
      modifies this
      ensures Valid()
      ensures provided ==> isContactOpen == !old(isContactOpen)
      ensures !provided ==> isContactOpen == old(isContactOpen)
    {
      if provided {
        isContactOpen := !isContactOpen;
      }
    }

    /** `closeContact`: the overlay is closed afterwards, whatever it was. */
    method CloseContact()
      requires Valid()
      modifies this
      ensures Valid() && !isContactOpen
    {
      if provided {
        isContactOpen := false;
      }
    }

    /** `onAnimationComplete`: called when the exit animation ends; it
        changes nothing. */
    method OnAnimationComplete()
      requires Valid()
      ensures Valid()
    {
    }
  }

  /** Two toggles restore the flag. */
  method ToggleTwice(c: ContactState)
    requires c.Valid()
    modifies c
    ensures c.Valid() && c.isContactOpen == old(c.isContactOpen)
  {
    c.ToggleContact();
    c.ToggleContact();
  }

  /** Closing an overlay that is already closed changes nothing. */
  method CloseTwice(c: ContactState)
    requires c.Valid()
    modifies c
    ensures c.Valid() && !c.isContactOpen
  {
    c.CloseContact();
    var once := c.isContactOpen;
    c.CloseContact();
    assert c.isContactOpen == once;
  }
}
