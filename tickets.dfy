/** The persisted access ticket: a predicate that tells a usable ticket from
    the falsy placeholders, and the page's session key/value store under the
    key `ACCESS_TOKEN`. */
module Tickets {
  import opened Common

  const TicketKey := "ACCESS_TOKEN"

  /** `hasTicket`: a missing value, the empty string and the string "false"
      are not tickets; every other string is. */
  predicate HasTicket(t: Option<string>) {
    t.Some? && t.value != "" && t.value != "false"
  }

  /** Exactly the two falsy strings are refused. */
  lemma HasTicketRefuses(s: string)
    ensures !HasTicket(None)
    ensures HasTicket(Some(s)) <==> s != "" && s != "false"
  {
  }

  /** What `sessionStorage.getItem(TicketKey)` returns for a given store. */
  function Lookup(items: map<string, string>): (t: Option<string>)
    ensures t.Some? <==> TicketKey in items
    ensures t.Some? ==> t.value == items[TicketKey]
  {
    if TicketKey in items then Some(items[TicketKey]) else None
  }

  /** Session storage as the ticket helpers see it. `inBrowser` is whether a
      `window` exists; without one `sessionStorage` is undefined. */
  class SessionStore {
    var items: map<string, string>
    const inBrowser: bool

    constructor (inBrowser: bool)
      ensures this.inBrowser == inBrowser && items == map[]
    {
      this.inBrowser := inBrowser;
      items := map[];
    }

    /** `setTicket(ticket)`; a call without argument is `SetTicket("")`. Both
        branches store the value, so even an empty or "false" ticket is
        written rather than removed. Outside a browser the source throws, so
        the caller must be in one. */
    method SetTicket(ticket: string)
      requires inBrowser
      modifies this
      ensures items == old(items)[TicketKey := ticket]
      ensures Lookup(items) == Some(ticket)
    {
      if HasTicket(Some(ticket)) {
        items := items[TicketKey := ticket];
      } else {
        items := items[TicketKey := ticket];
      }
    }

    /** `getTicket`: nothing outside a browser, otherwise the stored value. */
    method GetTicket() returns (t: Option<string>)
      ensures !inBrowser ==> t == None
      ensures inBrowser ==> t == Lookup(items)
    {
      if inBrowser {
        t := Lookup(items);
      } else {
        t := None;
      }
    }

    /** `deleteTicket`: remove the key, so a later `getTicket` finds nothing. */
    method DeleteTicket()
      requires inBrowser
      modifies this
      ensures items == old(items) - {TicketKey}
      ensures Lookup(items) == None
    {
      items := items - {TicketKey};
    }
  }
}
