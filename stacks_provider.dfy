/**
 * The wallet session: five state fields driven by `connectWallet`,
 * `disconnectWallet`, the restore path `loadUserData` and the mount-time
 * `checkConnection`. What the wallet library answers (`connect()`,
 * `getLocalStorage()`, `isConnected()`) arrives as an input; the calls the
 * session makes to the wallet (`connect()`, `disconnect()`) are recorded.
 */
module StacksProvider {
  import opened Wrappers
  import opened JsArray

  /** One entry of an `addresses` list. */
  datatype AddressEntry = AddressEntry(symbol: string, address: string, publicKey: Option<string>)

  /**
   * What `await connect()` does: resolve with an address list, or throw.
   * A list slot may hold a null entry, which the truthiness tests skip.
   */
  datatype ConnectOutcome = ConnectThrows | ConnectResponse(addresses: seq<Option<AddressEntry>>)

  /** The entry at `index` of a response list, when the slot exists and is not null. */
  function EntryAt(addresses: seq<Option<AddressEntry>>, index: nat): Option<AddressEntry> {
    if index < |addresses| then addresses[index] else None
  }

  /** The `addresses` field of the persisted data: falsy, present but not an array, or an array. */
  datatype AddressesField = AddressesAbsent | AddressesNotArray | AddressArray(entries: seq<AddressEntry>)

  /** What `getLocalStorage()` does: throw, return nothing, or return data. */
  datatype StorageOutcome = StorageThrows | NothingStored | StoredData(addresses: AddressesField)

  /** What `isConnected()` does. */
  datatype ProbeOutcome = ReportsConnected | ReportsNotConnected | ProbeThrows

  /** A request the session sends to the wallet. */
  datatype WalletCall = ConnectCall | DisconnectCall

  datatype SessionState = SessionState(
    address: Option<string>,
    btcAddress: Option<string>,
    publicKey: Option<string>,
    connected: bool,
    isLoading: bool)

  /** The session after an operation, and the wallet requests the operation sent. */
  datatype Step = Step(state: SessionState, calls: seq<WalletCall>)

  /** The initial `useState` values. */
  const InitialSession := SessionState(None, None, None, false, false)

  /** `connected` and `address` are set and cleared together. */
  predicate AddressAgrees(s: SessionState) {
    s.connected <==> s.address.Some?
  }

  /** What holds between operations: the agreement above, and no connect in progress. */
  predicate SessionInvariant(s: SessionState) {
    AddressAgrees(s) && !s.isLoading
  }

  /** The short-circuit test `connected && address` (an empty address is falsy). */
  predicate AlreadyConnected(s: SessionState) {
    s.connected && s.address.Some? && s.address.value != ""
  }

  /** `connectWallet`, given what `connect()` does. */
  function ConnectStep(s: SessionState, outcome: ConnectOutcome): (r: Step)
    ensures r.calls == if AlreadyConnected(s) then [] else [ConnectCall]
    ensures !AlreadyConnected(s) ==> !r.state.isLoading
    ensures AddressAgrees(s) ==> AddressAgrees(r.state)
  {
    if AlreadyConnected(s) then Step(s, [])
    else
      var settled :=
        match outcome
        case ConnectThrows => s
        case ConnectResponse(addresses) =>
          var stx, btc := EntryAt(addresses, 2), EntryAt(addresses, 0);
          var withStx :=
            if stx.Some?
            then s.(address := Some(stx.value.address), publicKey := stx.value.publicKey, connected := true)
            else s;
          if btc.Some? then withStx.(btcAddress := Some(btc.value.address)) else withStx;
      Step(settled.(isLoading := false), [ConnectCall])
  }

  /** `disconnectWallet`. */
  function DisconnectStep(s: SessionState): (r: Step)
    ensures !r.state.connected && r.state.address.None? && r.calls == [DisconnectCall]
    ensures AddressAgrees(r.state) && r.state.isLoading == s.isLoading
  {
    Step(s.(address := None, btcAddress := None, publicKey := None, connected := false), [DisconnectCall])
  }

  predicate IsStx(entry: AddressEntry) {
    entry.symbol == "STX"
  }

  predicate IsBtc(entry: AddressEntry) {
    entry.symbol == "BTC"
  }

  /** The first entry with the symbol, looked up only when `addresses` is an array. */
  function EntryFor(field: AddressesField, symbol: AddressEntry -> bool): Option<AddressEntry> {
    if field.AddressArray? then Find(field.entries, symbol) else None
  }

  /** Index `k` holds the first entry that `symbol` accepts. */
  ghost predicate FirstWith(entries: seq<AddressEntry>, symbol: AddressEntry -> bool, k: int) {
    0 <= k < |entries| && symbol(entries[k]) && forall j :: 0 <= j < k ==> !symbol(entries[j])
  }

  /** The guard `stxAccount && stxAccount.address`. */
  predicate Restorable(stx: Option<AddressEntry>) {
    stx.Some? && stx.value.address != ""
  }

  /** `btcAccount?.address || null`. */
  function BtcAddressOf(btc: Option<AddressEntry>): Option<string> {
    if btc.Some? && btc.value.address != "" then Some(btc.value.address) else None
  }

  /**
   * `loadUserData`, given what `getLocalStorage()` does and what `connect()`
   * would do if the restore falls back to connecting.
   */
  function LoadStep(s: SessionState, stored: StorageOutcome, fallback: ConnectOutcome): (r: Step)
    ensures r == ConnectStep(s, fallback) || r.calls == []
    ensures r.calls == [] && r.state != s ==> r.state.connected && r.state.address.Some?
  {
    match stored
    case StorageThrows => ConnectStep(s, fallback)
    case NothingStored => Step(s, [])
    case StoredData(field) =>
      var stx := EntryFor(field, IsStx);
      if Restorable(stx) then
        Step(s.(address := Some(stx.value.address),
                publicKey := stx.value.publicKey,
                btcAddress := BtcAddressOf(EntryFor(field, IsBtc)),
                connected := true), [])
      else ConnectStep(s, fallback)
  }

  /** The mount-time `checkConnection`: restore only when `isConnected()` reports true. */
  function MountStep(s: SessionState, probe: ProbeOutcome, stored: StorageOutcome, fallback: ConnectOutcome): (r: Step)
    ensures r == Step(s, []) || r == LoadStep(s, stored, fallback)
    ensures r != Step(s, []) ==> probe.ReportsConnected?
  {
    if probe.ReportsConnected? then LoadStep(s, stored, fallback) else Step(s, [])
  }

  /** Connecting while already connected sends no request and changes nothing. */
  lemma ConnectShortCircuits(s: SessionState, outcome: ConnectOutcome)
    requires AlreadyConnected(s)
    ensures ConnectStep(s, outcome) == Step(s, [])
  {
  }

  /**
   * Otherwise exactly one `connect()` request goes out and loading ends.
   * A thrown error leaves every other field as it was; a response with a
   * non-null entry at index 2 takes its address and public key and connects;
   * the BTC address follows a non-null index 0 on its own; without an entry
   * at index 2 (a short list or a null slot), `connected`, `address` and
   * `publicKey` stay, and without one at index 0 so does the BTC address.
   */
  lemma ConnectEffect(s: SessionState, outcome: ConnectOutcome)
    requires !AlreadyConnected(s)
    ensures var r := ConnectStep(s, outcome);
      r.calls == [ConnectCall] && !r.state.isLoading
      && (outcome.ConnectThrows? ==> r.state == s.(isLoading := false))
      && (outcome.ConnectResponse? && EntryAt(outcome.addresses, 2).Some? ==>
            r.state.address == Some(EntryAt(outcome.addresses, 2).value.address)
            && r.state.publicKey == EntryAt(outcome.addresses, 2).value.publicKey && r.state.connected)
      && (outcome.ConnectResponse? && EntryAt(outcome.addresses, 2).None? ==>
            r.state.address == s.address && r.state.publicKey == s.publicKey && r.state.connected == s.connected)
      && (outcome.ConnectResponse? ==>
            r.state.btcAddress ==
              if EntryAt(outcome.addresses, 0).Some? then Some(EntryAt(outcome.addresses, 0).value.address) else s.btcAddress)
  {
  }

  /** Disconnecting clears the session whatever it was, leaves `isLoading`, and a second time changes nothing more. */
  lemma DisconnectClears(s: SessionState)
    ensures var r := DisconnectStep(s).state;
      r.address.None? && r.btcAddress.None? && r.publicKey.None? && !r.connected
      && r.isLoading == s.isLoading
      && DisconnectStep(r).state == r
  {
  }

  /** With nothing persisted the restore does nothing. */
  lemma LoadWithNothingStored(s: SessionState, fallback: ConnectOutcome)
    ensures LoadStep(s, NothingStored, fallback) == Step(s, [])
  {
  }

  /**
   * When the first STX entry of an address array has an address, the session
   * is restored from it without any wallet request; the BTC address is the
   * first BTC entry's, or null when there is none or it is empty.
   */
  lemma LoadRestores(s: SessionState, entries: seq<AddressEntry>, fallback: ConnectOutcome, k: nat)
    requires FirstWith(entries, IsStx, k) && entries[k].address != ""
    ensures var r := LoadStep(s, StoredData(AddressArray(entries)), fallback);
      r.calls == []
      && r.state.address == Some(entries[k].address) && r.state.publicKey == entries[k].publicKey
      && r.state.connected && r.state.isLoading == s.isLoading
      && (r.state.btcAddress.Some? <==> exists j :: FirstWith(entries, IsBtc, j) && entries[j].address != "")
      && (forall j :: FirstWith(entries, IsBtc, j) && entries[j].address != "" ==> r.state.btcAddress == Some(entries[j].address))
  {
    var field := AddressArray(entries);
    var stx := EntryFor(field, IsStx);
    var j :| 0 <= j < |entries| && entries[j] == stx.value && IsStx(entries[j]) && IsFirstMatch(entries, IsStx, j);
    assert j == k;
    var btc := EntryFor(field, IsBtc);
    if btc.Some? {
      var b :| 0 <= b < |entries| && entries[b] == btc.value && IsBtc(entries[b]) && IsFirstMatch(entries, IsBtc, b);
      forall j | FirstWith(entries, IsBtc, j)
        ensures j == b
      {
      }
    }
  }

  /**
   * A failed read, missing or non-array `addresses`, no STX entry, or an STX
   * entry without an address: the restore falls back to `connectWallet`.
   */
  lemma LoadFallsBack(s: SessionState, stored: StorageOutcome, fallback: ConnectOutcome)
    requires stored.StorageThrows?
          || (stored.StoredData? && !stored.addresses.AddressArray?)
          || (stored.StoredData? && stored.addresses.AddressArray?
              && forall k :: FirstWith(stored.addresses.entries, IsStx, k) ==> stored.addresses.entries[k].address == "")
    ensures LoadStep(s, stored, fallback) == ConnectStep(s, fallback)
  {
    if stored.StoredData? && stored.addresses.AddressArray? {
      var entries := stored.addresses.entries;
      var stx := EntryFor(stored.addresses, IsStx);
      if stx.Some? {
        var k :| 0 <= k < |entries| && entries[k] == stx.value && IsStx(entries[k]) && IsFirstMatch(entries, IsStx, k);
        assert stx.value.address == "";
      }
    }
  }

  /** Unless `isConnected()` reports true, mounting does nothing; otherwise it is the restore. */
  lemma MountRestoresOnlyWhenConnected(s: SessionState, probe: ProbeOutcome, stored: StorageOutcome, fallback: ConnectOutcome)
    ensures !probe.ReportsConnected? ==> MountStep(s, probe, stored, fallback) == Step(s, [])
    ensures probe.ReportsConnected? ==> MountStep(s, probe, stored, fallback) == LoadStep(s, stored, fallback)
  {
  }

  /** Every operation keeps `connected` in step with `address`, and ends with loading off. */
  lemma StepsKeepInvariant(s: SessionState, outcome: ConnectOutcome, probe: ProbeOutcome, stored: StorageOutcome)
    requires SessionInvariant(s)
    ensures SessionInvariant(ConnectStep(s, outcome).state)
    ensures SessionInvariant(DisconnectStep(s).state)
    ensures SessionInvariant(LoadStep(s, stored, outcome).state)
    ensures SessionInvariant(MountStep(s, probe, stored, outcome).state)
  {
  }

  /** Something that happens to the session. */
  datatype SessionEvent =
    | Connect(outcome: ConnectOutcome)
    | Disconnect
    | Mount(probe: ProbeOutcome, stored: StorageOutcome, fallback: ConnectOutcome)

  function Handle(s: SessionState, event: SessionEvent): Step {
    match event
    case Connect(outcome) => ConnectStep(s, outcome)
    case Disconnect => DisconnectStep(s)
    case Mount(probe, stored, fallback) => MountStep(s, probe, stored, fallback)
  }

  /** The session after the events, handled in turn. */
  function Run(s: SessionState, events: seq<SessionEvent>): SessionState
    decreases |events|
  {
    if events == [] then s else Run(Handle(s, events[0]).state, events[1..])
  }

  /** From the initial session, whatever happens, `connected` holds exactly when an address is set. */
  lemma {:induction false} RunKeepsInvariant(s: SessionState, events: seq<SessionEvent>)
    requires SessionInvariant(s)
    ensures SessionInvariant(Run(s, events))
    decreases |events|
  {
    if events != [] {
      var e := events[0];
      match e {
        case Connect(outcome) => StepsKeepInvariant(s, outcome, ProbeThrows, NothingStored);
        case Disconnect => StepsKeepInvariant(s, ConnectThrows, ProbeThrows, NothingStored);
        case Mount(probe, stored, fallback) => StepsKeepInvariant(s, fallback, probe, stored);
      }
      RunKeepsInvariant(Handle(s, e).state, events[1..]);
    }
  }

  /** The provider component's state. */
  class Provider {
    var address: Option<string>
    var btcAddress: Option<string>
    var publicKey: Option<string>
    var connected: bool
    var isLoading: bool
    /** The requests sent to the wallet so far. */
    var walletCalls: seq<WalletCall>

    function State(): SessionState
      reads this
    {
      SessionState(address, btcAddress, publicKey, connected, isLoading)
    }

    constructor ()
      ensures State() == InitialSession && walletCalls == []
    {
      address, btcAddress, publicKey := None, None, None;
      connected, isLoading := false, false;
      walletCalls := [];
    }

    /** `connectWallet`; the try/catch/finally becomes the match on what `connect()` did. */
    method ConnectWallet(outcome: ConnectOutcome)
      modifies this
      ensures State() == ConnectStep(old(State()), outcome).state
      ensures walletCalls == old(walletCalls) + ConnectStep(old(State()), outcome).calls
    {
      if connected && address.Some? && address.value != "" {
        return;
      }
      isLoading := true;
      walletCalls := walletCalls + [ConnectCall];
      match outcome {
        case ConnectThrows =>
        case ConnectResponse(addresses) =>
          var stxAccount := if |addresses| > 2 then addresses[2] else None;
          var btcAccount := if |addresses| > 0 then addresses[0] else None;
          if stxAccount.Some? {
            address := Some(stxAccount.value.address);
            publicKey := stxAccount.value.publicKey;
            connected := true;
          }
          if btcAccount.Some? {
            btcAddress := Some(btcAccount.value.address);
          }
      }
      isLoading := false;
    }

    /** `disconnectWallet`. */
    method DisconnectWallet()
      modifies this
      ensures State() == DisconnectStep(old(State())).state
      ensures walletCalls == old(walletCalls) + [DisconnectCall]
    {
      walletCalls := walletCalls + [DisconnectCall];
      address := None;
      btcAddress := None;
      publicKey := None;
      connected := false;
    }

    /** `loadUserData`; the fallback `connectWallet()` runs to completion in place. */
    method LoadUserData(stored: StorageOutcome, fallback: ConnectOutcome)
      modifies this
      ensures State() == LoadStep(old(State()), stored, fallback).state
      ensures walletCalls == old(walletCalls) + LoadStep(old(State()), stored, fallback).calls
    {
      match stored {
        case StorageThrows =>
          ConnectWallet(fallback);
        case NothingStored =>
          return;
        case StoredData(field) =>
          var stxAccount: Option<AddressEntry> := None;
          var btcAccount: Option<AddressEntry> := None;
          if field.AddressArray? {
            stxAccount := Find(field.entries, IsStx);
            btcAccount := Find(field.entries, IsBtc);
          }
          if stxAccount.Some? && stxAccount.value.address != "" {
            address := Some(stxAccount.value.address);
            publicKey := stxAccount.value.publicKey;
            btcAddress := if btcAccount.Some? && btcAccount.value.address != "" then Some(btcAccount.value.address) else None;
            connected := true;
          } else {
            ConnectWallet(fallback);
          }
      }
    }

    /** The mount-time `checkConnection`. */
    method CheckConnection(probe: ProbeOutcome, stored: StorageOutcome, fallback: ConnectOutcome)
      modifies this
      ensures State() == MountStep(old(State()), probe, stored, fallback).state
      ensures walletCalls == old(walletCalls) + MountStep(old(State()), probe, stored, fallback).calls
    {
      if probe.ReportsConnected? {
        LoadUserData(stored, fallback);
      }
    }
  }
}
