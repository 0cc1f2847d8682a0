/** The page header: the truncated wallet address with a Disconnect button, or a Connect button. */
module Header {
  import opened Wrappers
  import opened JsString
  import opened StacksProvider

  /** `truncateAddress`: `addr.slice(0, 6) + "..." + addr.slice(-4)`. */
  function TruncateAddress(addr: string): (r: string)
    ensures var head := if |addr| < 6 then |addr| else 6;
            var tail := if |addr| < 4 then |addr| else 4;
            r == addr[..head] + "..." + addr[|addr| - tail..]
  {
    Slice(addr, 0, 6) + "..." + SliceFrom(addr, -4)
  }

  /** A long address shows its first six and last four characters around "...", 13 characters in all. */
  lemma TruncateLongAddress(addr: string)
    requires |addr| >= 10
    ensures var r := TruncateAddress(addr);
      |r| == 13 && r[..6] == addr[..6] && r[6..9] == "..." && r[9..] == addr[|addr| - 4..]
  {
  }

  /**
   * `slice` clamps: the first part is the whole address when it is shorter than
   * six characters, the last part when it is shorter than four, and the length
   * is three plus both clamped parts.
   */
  lemma TruncateShortAddress(addr: string)
    ensures var r := TruncateAddress(addr);
      |r| == (if |addr| < 6 then |addr| else 6) + 3 + (if |addr| < 4 then |addr| else 4)
      && (|addr| < 6 ==> r[..|addr|] == addr)
      && (|addr| < 4 ==> r[|r| - |addr|..] == addr)
  {
  }

  /** The right-hand controls. */
  datatype Controls =
    | ConnectedControls(shownAddress: Option<string>)  // the address text, then Disconnect
    | ConnectButton

  /** The controls for the `connected` and `address` props; `address && …` shows nothing for a null or empty address. */
  function HeaderControls(connected: bool, address: Option<string>): (c: Controls)
    ensures c.ConnectButton? <==> !connected
    ensures c.ConnectedControls? && c.shownAddress.Some? ==> address.Some? && |c.shownAddress.value| >= 3
    ensures connected && address.Some? && address.value != "" ==> c.shownAddress.Some?
  {
    if connected then
      ConnectedControls(if address.Some? && address.value != "" then Some(TruncateAddress(address.value)) else None)
    else ConnectButton
  }

  /**
   * Fed from a session, the header shows Disconnect exactly while an address is
   * set, shows the address whenever it is non-empty, and after a disconnect
   * offers only Connect.
   */
  lemma HeaderFollowsSession(s: SessionState)
    requires AddressAgrees(s)
    ensures HeaderControls(s.connected, s.address).ConnectedControls? <==> s.address.Some?
    ensures s.address.Some? && s.address.value != "" ==>
      HeaderControls(s.connected, s.address) == ConnectedControls(Some(TruncateAddress(s.address.value)))
    ensures var d := DisconnectStep(s).state; HeaderControls(d.connected, d.address) == ConnectButton
  {
  }
}
