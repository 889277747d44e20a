/** The credit of a stream's sending half. */
module StreamSend {
  import opened Primitives

  /** How much was sent, and how much more may be. */
  datatype Funds = Funds(sent: nat, window: nat) {
    /** Where the credit ends: the largest offset that may be sent. */
    function End(): nat { sent + window }
  }

  function Spend(c: Funds, len: nat): (c': Funds)
    requires len <= c.window
    ensures c'.End() == c.End() && c'.sent == c.sent + len
  {
    Funds(c.sent + len, c.window - len)
  }

  /** A limit from the peer. A stale one may lower the credit, but its end is never below what was sent
      and never past both that and the limit. */
  function OnLimit(c: Funds, limit: nat): (c': Funds)
    ensures c'.sent == c.sent && c'.End() == Max(c.sent, limit)
  {
    c.(window := SaturatingSub(limit, c.sent))
  }
}
